/** An open Minix file: its inode and the caches that minixfs.c keeps of its index blocks and of one data
    block. Every method agrees with what MinixReader finds in the image without caches. */
module MinixCache {
  import opened Division
  import opened Bytes
  import opened PathNames
  import opened MinixReader

  const NIADDR: nat := 2

  /** What follows from an address that is that of nothing. */
  const WILD: Error := Other(0)

  function ZoneBytes(s: Image, z: nat): (b: seq<Byte>)
    requires HasZone(s, z)
    ensures |b| == BS
  {
    s[z * BS..(z + 1) * BS]
  }

  // ---- Index blocks ----

  /** The blocks that a tree of the given depth maps. */
  function Span(depth: nat): nat { if depth == 0 then 1 else if depth == 1 then NINDIR else NINDIR * NINDIR }

  /** The way down from zone `z`, a level at a time. */
  function Walk(s: Image, depth: nat, z: nat, fb: nat): Mapping
    requires depth <= NIADDR && fb < Span(depth)
  {
    if depth == 0 || z == 0 then Zone(z)
    else if !HasZone(s, z) then Unreadable
    else Walk(s, depth - 1, U16(s, z * BS + 2 * (fb / Span(depth - 1))), fb % Span(depth - 1))
  }

  lemma WalkIsPointer(s: Image, zones: seq<nat>, b: nat)
    requires |zones| == 9 && b >= NDADDR
    ensures b - NDADDR < Span(1) ==> Walk(s, 1, zones[7], b - NDADDR) == BlockMap(s, zones, b)
    ensures Span(1) <= b - NDADDR < Span(1) + Span(2) ==> Walk(s, 2, zones[8], b - NDADDR - Span(1)) == BlockMap(s, zones, b)
    ensures b - NDADDR >= Span(1) + Span(2) ==> BlockMap(s, zones, b) == NotInFile
  {
    if b - NDADDR < Span(1) {
      WalkOne(s, zones[7], b - NDADDR);
    } else if b - NDADDR < Span(1) + Span(2) {
      WalkTwo(s, zones[8], b - NDADDR - Span(1));
    }
  }

  lemma WalkOne(s: Image, z: nat, i: nat)
    requires i < NINDIR
    ensures Walk(s, 1, z, i) == Pointer(s, Zone(z), i)
  {
    assert i / Span(0) == i;
  }

  lemma WalkTwo(s: Image, z: nat, i: nat)
    requires i < NINDIR * NINDIR
    ensures Walk(s, 2, z, i) == Pointer(s, Pointer(s, Zone(z), i / NINDIR), i % NINDIR)
  {
    if z != 0 && HasZone(s, z) {
      WalkOne(s, U16(s, z * BS + 2 * (i / NINDIR)), i % NINDIR);
    }
  }

  predicate Readable(s: Image, bad: set<nat>, z: nat) { HasZone(s, z) && z !in bad }

  /** The way down through the cache: a zone that a level holds need not be read. */
  function Reach(s: Image, bad: set<nat>, depth: nat, z: nat, fb: nat, held: seq<int>): Mapping
    requires depth <= NIADDR && fb < Span(depth) && |held| == NIADDR
  {
    if depth == 0 || z == 0 then Zone(z)
    else if !HasZone(s, z) || (held[depth - 1] != z && z in bad) then Unreadable
    else Reach(s, bad, depth - 1, U16(s, z * BS + 2 * (fb / Span(depth - 1))), fb % Span(depth - 1), held)
  }

  function Finds(s: Image, bad: set<nat>, zones: seq<nat>, b: nat, held: seq<int>): Mapping
    requires |zones| == 9 && |held| == NIADDR
  {
    if b < NDADDR then Zone(zones[b])
    else if b - NDADDR < Span(1) then Reach(s, bad, 1, zones[7], b - NDADDR, held)
    else if b - NDADDR < Span(1) + Span(2) then Reach(s, bad, 2, zones[8], b - NDADDR - Span(1), held)
    else NotInFile
  }

  lemma ReachIsWalk(s: Image, bad: set<nat>, depth: nat, z: nat, fb: nat, held: seq<int>)
    requires depth <= NIADDR && fb < Span(depth) && |held| == NIADDR
    ensures Reach(s, bad, depth, z, fb, held) != NotInFile
    ensures Reach(s, bad, depth, z, fb, held).Zone? || bad == {} ==> Reach(s, bad, depth, z, fb, held) == Walk(s, depth, z, fb)
  {
  }

  /** What is found through the cache is what is in the image, unless the device fails on the way. */
  lemma FindsIs(s: Image, bad: set<nat>, zones: seq<nat>, b: nat, held: seq<int>)
    requires |zones| == 9 && |held| == NIADDR
    ensures var m := Finds(s, bad, zones, b, held);
            && (m.Zone? || bad == {} ==> m == BlockMap(s, zones, b))
            && (m == NotInFile <==> BlockMap(s, zones, b) == NotInFile)
  {
    if b >= NDADDR {
      WalkIsPointer(s, zones, b);
      if b - NDADDR < Span(1) {
        ReachIsWalk(s, bad, 1, zones[7], b - NDADDR, held);
      } else if b - NDADDR < Span(1) + Span(2) {
        ReachIsWalk(s, bad, 2, zones[8], b - NDADDR - Span(1), held);
      }
    }
  }

  lemma ReachBelow(s: Image, bad: set<nat>, depth: nat, z: nat, fb: nat, held: seq<int>, now: seq<int>)
    requires depth <= NIADDR && fb < Span(depth) && |held| == |now| == NIADDR
    requires forall l :: 0 <= l < depth ==> held[l] == now[l]
    ensures Reach(s, bad, depth, z, fb, now) == Reach(s, bad, depth, z, fb, held)
  {
  }

  /** What block_map returns for what is found. */
  function Answer(m: Mapping): Result<nat> {
    match m
    case Zone(z) => Success(z)
    case NotInFile => Failure(Other(3))
    case Unreadable => Failure(Other(1))
  }

  // ---- What a read delivers ----

  /** A read of `count` bytes at `offset` of a file into memory at address `addr`. */
  datatype Request = Request(recSize: nat, offset: nat, addr: nat, count: nat)

  /** Whether the block that starts at position `q` is taken straight into the caller's buffer. */
  predicate Direct(p: Request, q: nat)
    requires p.recSize > 0
  {
    && q % BS == 0 && p.offset <= q && q + BS <= p.offset + p.count
    && p.addr + (q - p.offset) != 0 && (p.addr + (q - p.offset)) % p.recSize == 0
  }

  /** A direct read does not look whether the zone number is 0. */
  function DirectByte(s: Image, ino: Inode, pos: nat): Result<Byte>
    requires |ino.zones| == 9
  {
    if pos >= ino.size then Failure(Other(3))
    else match BlockMap(s, ino.zones, Lblkno(pos))
      case Zone(z) => if HasZone(s, z) then Success(ZoneBytes(s, z)[pos % BS]) else Failure(Other(1))
      case NotInFile => Failure(Other(3))
      case Unreadable => Failure(Other(1))
  }

  function Delivered(s: Image, ino: Inode, p: Request, pos: nat): Result<Byte>
    requires |ino.zones| == 9 && p.recSize > 0
  {
    if Direct(p, pos - pos % BS) then DirectByte(s, ino, pos) else ReadByte(s, ino, pos)
  }

  /** What is delivered is the file's byte, unless it is in a hole read directly: that gives the bytes of
      zone 0, if there is one. */
  lemma DeliveredIs(s: Image, ino: Inode, p: Request, pos: nat)
    requires |ino.zones| == 9 && p.recSize > 0
    ensures Delivered(s, ino, p, pos) == ReadByte(s, ino, pos) <==>
            !(&& Direct(p, pos - pos % BS) && pos < ino.size && BlockMap(s, ino.zones, Lblkno(pos)) == Zone(0)
              && !(HasZone(s, 0) && s[pos % BS] == 0))
  {
  }

  /** A file that is one hole: read directly, its first byte is the first of the device. */
  lemma HoleTakesZoneZero(s: Image)
    requires |s| >= BS && s[0] == 1
    ensures var ino, p := Inode(0, BS, seq(9, _ => 0)), Request(512, 0, 512, BS);
            Delivered(s, ino, p, 0) == Success(1) && ReadByte(s, ino, 0) == Success(0)
  {
    var ino := Inode(0, BS, seq(9, _ => 0));
    assert BlockMap(s, ino.zones, Lblkno(0)) == Zone(0);
    assert ZoneBytes(s, 0)[0] == s[0];
  }

  lemma SameBlock(pos: nat, j: nat)
    requires pos % BS + j < BS
    ensures Lblkno(pos + j) == Lblkno(pos) && (pos + j) % BS == pos % BS + j
  {
    assert (pos + j) / BS == pos / BS;
  }

  /** After `done` bytes, up to the start of a block, what is left is asked for as it was. */
  lemma SamePlan(p: Request, rest: Request, done: nat, q: nat)
    requires p.recSize > 0 && done <= p.count && rest == Request(p.recSize, p.offset + done, p.addr + done, p.count - done)
    requires done == 0 || q >= p.offset + done
    ensures Direct(rest, q) == Direct(p, q)
  {
  }

  /** What is delivered at each position. */
  function Plan(s: Image, ino: Inode, p: Request): nat -> Result<Byte>
    requires |ino.zones| == 9 && p.recSize > 0
  {
    (q: nat) => Delivered(s, ino, p, q)
  }

  /** From index `at` on the buffer has what is planned for the positions from `pos` up to `end`. */
  ghost predicate Fills(plan: nat -> Result<Byte>, dst: seq<Byte>, at: nat, pos: nat, end: nat) {
    pos <= end && at + (end - pos) <= |dst| && forall q: nat :: pos <= q < end ==> plan(q) == Success(dst[at + (q - pos)])
  }

  /** What one call delivers: up to the end of the block or of the file. */
  function StepSize(pos: nat, left: nat, size: nat): (n: nat)
    requires pos < size
    ensures left > 0 ==> n > 0
    ensures n <= left && pos + n <= size && pos % BS + n <= BS
  {
    Min(left, Min(BS - pos % BS, size - pos))
  }

  lemma StepEnds(pos: nat, left: nat, size: nat)
    requires pos < size
    ensures var n := StepSize(pos, left, size); n == left || (pos + n) % BS == 0 || pos + n == size
  {
    assert (pos + (BS - pos % BS)) % BS == 0;
  }

  /** A step from the data buffer, or from the zone read directly. */
  lemma StepFills(s: Image, ino: Inode, p: Request, dst: seq<Byte>, at: nat, n: nat, block: seq<Byte>)
    requires |ino.zones| == 9 && p.recSize > 0 && at + n <= |dst| && |block| == BS && p.offset < ino.size
    requires n == StepSize(p.offset, p.count, ino.size)
    requires dst[at..at + n] == block[p.offset % BS..p.offset % BS + n]
    requires Source(s, ino, p, block)
    ensures Fills(Plan(s, ino, p), dst, at, p.offset, p.offset + n)
  {
    forall q: nat | p.offset <= q < p.offset + n ensures Plan(s, ino, p)(q) == Success(dst[at + (q - p.offset)]) {
      var j: nat := q - p.offset;
      SameBlock(p.offset, j);
      assert dst[at..at + n][j] == block[p.offset % BS..p.offset % BS + n][j];
      SourceByte(s, ino, p, block, j);
    }
  }

  /** Where the bytes of a step at the start of a read come from. */
  ghost predicate Source(s: Image, ino: Inode, p: Request, block: seq<Byte>)
    requires |ino.zones| == 9 && p.recSize > 0
  {
    if Direct(p, p.offset)
    then var m := BlockMap(s, ino.zones, Lblkno(p.offset)); m.Zone? && HasZone(s, m.z) && block == ZoneBytes(s, m.z)
    else ReadBlock(s, ino, Lblkno(p.offset)) == Success(block)
  }

  lemma SourceByte(s: Image, ino: Inode, p: Request, block: seq<Byte>, j: nat)
    requires |ino.zones| == 9 && p.recSize > 0 && |block| == BS && Source(s, ino, p, block)
    requires p.offset % BS + j < BS && p.offset + j < ino.size
    ensures Delivered(s, ino, p, p.offset + j) == Success(block[p.offset % BS + j])
  {
    SameBlock(p.offset, j);
    assert p.offset + j - (p.offset + j) % BS == p.offset - p.offset % BS;
  }

  /** A step more, of what was left. */
  lemma Grows(plan: nat -> Result<Byte>, rest: nat -> Result<Byte>, before: seq<Byte>, now: seq<Byte>, at: nat, pos: nat, mid: nat, end: nat, stop: nat)
    requires Fills(plan, before, at, pos, mid) && mid <= end && SameOutside(before, now, at + (mid - pos), stop)
    requires Fills(rest, now, at + (mid - pos), mid, end) && forall q: nat :: mid <= q ==> rest(q) == plan(q)
    ensures Fills(plan, now, at, pos, end)
  {
  }

  lemma SameDelivery(s: Image, ino: Inode, p: Request, rest: Request, done: nat, pos: nat)
    requires |ino.zones| == 9 && p.recSize > 0 && done <= p.count && pos >= p.offset + done
    requires rest == Request(p.recSize, p.offset + done, p.addr + done, p.count - done)
    requires done == 0 || (p.offset + done) % BS == 0
    ensures Delivered(s, ino, rest, pos) == Delivered(s, ino, p, pos)
  {
    if done > 0 {
      BlockStart(p.offset + done, pos);
    }
    SamePlan(p, rest, done, pos - pos % BS);
  }

  lemma PlanAlike(s: Image, ino: Inode, p: Request, rest: Request, done: nat)
    requires |ino.zones| == 9 && p.recSize > 0 && done <= p.count
    requires rest == Request(p.recSize, p.offset + done, p.addr + done, p.count - done)
    requires done == 0 || (p.offset + done) % BS == 0
    ensures forall q: nat :: p.offset + done <= q ==> Plan(s, ino, rest)(q) == Plan(s, ino, p)(q)
  {
    forall q: nat | p.offset + done <= q ensures Plan(s, ino, rest)(q) == Plan(s, ino, p)(q) {
      SameDelivery(s, ino, p, rest, done, q);
    }
  }

  lemma BlockStart(start: nat, pos: nat)
    requires start % BS == 0 && start <= pos
    ensures start <= pos - pos % BS
  {
    assert start / BS <= pos / BS;
  }

  /** 64 MiB further on, the reader finds the same bytes again. */
  lemma Wraps(s: Image, ino: Inode, pos: nat)
    requires |ino.zones| == 9 && pos + 0x400_0000 < ino.size
    ensures ReadByte(s, ino, pos + 0x400_0000) == ReadByte(s, ino, pos)
  {
    assert (pos + 0x400_0000) / BS == pos / BS + 0x1_0000;
    assert Lblkno(pos + 0x400_0000) == Lblkno(pos);
  }

  ghost predicate Whole(plan: nat -> Result<Byte>, pos: nat, end: nat) { forall q: nat :: pos <= q < end ==> plan(q).Success? }

  // ---- The open file ----

  class OpenedFile {
    const s: Image
    const recSize: nat
    var ino: Inode
    const blk: array<seq<Byte>>
    const blkno: array<int>
    const nindir: seq<nat>
    // [] stands for no buffer.
    var buf: seq<Byte>
    var bufBlkno: int

    /** A level of the cache is empty or holds the zone it names. */
    ghost predicate Valid()
      reads this, blk, blkno
    {
      && recSize > 0 && |ino.zones| == 9 && Mount(s).Success?
      && blk.Length == NIADDR && blkno.Length == NIADDR && nindir == [NINDIR, NINDIR * NINDIR]
      && forall l :: 0 <= l < NIADDR && blkno[l] != -1 ==>
           blkno[l] >= 0 && HasZone(s, blkno[l]) && blk[l] == ZoneBytes(s, blkno[l])
    }

    /** The data buffer, if there is one, is the block it is named for. */
    ghost predicate Coherent()
      requires Valid()
      reads this, blk, blkno
    {
      buf != [] ==> bufBlkno >= 0 && ReadBlock(s, ino, bufBlkno) == Success(buf)
    }

    /** A block is named but there is no buffer: a device error came between. */
    predicate Stale()
      reads this
    {
      bufBlkno >= 0 && buf == []
    }

    /** mount_fs has found a superblock; the caches are as read_inode leaves them. */
    constructor (s: Image, recSize: nat)
      requires recSize > 0 && Mount(s).Success?
      ensures Valid() && Coherent() && !Stale() && fresh(blk) && fresh(blkno) && this.s == s && this.recSize == recSize
    {
      this.s, this.recSize := s, recSize;
      ino := Inode(0, 0, seq(9, _ => 0));
      blk := new seq<Byte>[NIADDR](_ => []);
      blkno := new int[NIADDR](_ => -1);
      nindir := [NINDIR, NINDIR * NINDIR];
      buf, bufBlkno := [], -1;
    }

    /** device_read of a zone; the device may fail on those in `bad`. */
    method DeviceRead(bad: set<nat>, z: nat) returns (r: Result<seq<Byte>>)
      ensures r == if HasZone(s, z) && z !in bad then Success(ZoneBytes(s, z)) else Failure(Other(1))
    {
      r := if HasZone(s, z) && z !in bad then Success(ZoneBytes(s, z)) else Failure(Other(1));
    }

    /** free_file_buffers. */
    method FreeFileBuffers()
      requires Valid()
      modifies this`buf, this`bufBlkno, blk, blkno
      ensures Valid() && blkno[..] == [-1, -1] && buf == [] && bufBlkno == -1
    {
      var level: nat := 0;
      while level < NIADDR
        invariant Valid() && level <= NIADDR && forall l :: 0 <= l < level ==> blkno[l] == -1
      {
        blk[level] := [];
        blkno[level] := -1;
        level := level + 1;
      }
      assert blkno[..] == [-1, -1];
      buf, bufBlkno := [], -1;
    }

    /** read_inode: nothing of another inode stays in the caches. */
    method ReadInode(bad: set<nat>, n: nat) returns (r: Result<()>)
      requires Valid()
      modifies this, blk, blkno
      ensures Valid()
      ensures r.Success? ==> MinixReader.ReadInode(s, n) == Success(ino) && blkno[..] == [-1, -1] && buf == [] && bufBlkno == -1
      ensures bad == {} ==> (r.Success? <==> MinixReader.ReadInode(s, n).Success?)
      ensures r.Failure? ==> ino == old(ino) && buf == old(buf) && bufBlkno == old(bufBlkno) && blkno[..] == old(blkno[..])
    {
      var i := MinixReader.ReadInode(s, n);
      if i.Failure? || InodeOffset(Mount(s).value, n) / BS in bad {
        return Failure(Other(1));
      }
      ino := i.value;
      FreeFileBuffers();
      r := Success(());
    }

    /** The zone with number `z`, from level `level` of the cache or into it. */
    method Fetch(bad: set<nat>, level: nat, z: nat) returns (r: Result<seq<Byte>>)
      requires Valid() && level < NIADDR
      modifies blk, blkno
      ensures Valid()
      ensures forall l :: 0 <= l < NIADDR && l != level ==> blkno[l] == old(blkno[l])
      ensures r.Success? <==> HasZone(s, z) && (old(blkno[level]) == z || z !in bad)
      ensures r.Success? ==> r.value == ZoneBytes(s, z) && blkno[level] == z
      ensures r.Failure? ==> r.error == Other(1)
    {
      if blkno[level] == z {
        return Success(blk[level]);
      }
      r := DeviceRead(bad, z);
      if r.Success? {
        blk[level] := r.value;
        blkno[level] := z;
      }
    }

    /** One round: the zone number and the index on the next level down. */
    method Round(bad: set<nat>, depth: nat, z: nat, fb: nat) returns (r: Result<nat>, below: nat)
      requires Valid() && 0 < depth <= NIADDR && z != 0 && fb < Span(depth)
      modifies blk, blkno
      ensures Valid() && forall l :: 0 <= l < NIADDR && l != depth - 1 ==> blkno[l] == old(blkno[l])
      ensures below < Span(depth - 1)
      ensures var m := Reach(s, bad, depth, z, fb, old(blkno[..]));
              if r.Success? then m == Reach(s, bad, depth - 1, r.value, below, old(blkno[..])) else m == Unreadable && r.error == Other(1)
    {
      var level := depth - 1;
      var data := Fetch(bad, level, z);
      if data.Failure? {
        return Failure(data.error), 0;
      }
      assert Span(depth - 1) == if level > 0 then nindir[level - 1] else 1;
      var idx := if level > 0 then fb / nindir[level - 1] else fb;
      below := if level > 0 then fb % nindir[level - 1] else 0;
      assert U16(data.value, 2 * idx) == U16(s, z * BS + 2 * idx);
      r := Success(U16(data.value, 2 * idx));
    }

    /** The loop of block_map: down from zone `z0`, through the caches of levels `top` to 0. */
    method Descend(bad: set<nat>, top: nat, z0: nat, fb0: nat) returns (r: Result<nat>)
      requires Valid() && top < NIADDR && fb0 < Span(top + 1)
      modifies blk, blkno
      ensures Valid()
      ensures r == Answer(Reach(s, bad, top + 1, z0, fb0, old(blkno[..])))
    {
      var depth: nat, z: nat, fb: nat := top + 1, z0, fb0;
      while depth > 0 && z != 0
        invariant Valid() && depth <= top + 1 && fb < Span(depth)
        invariant forall l :: 0 <= l < depth ==> blkno[l] == old(blkno[l])
        invariant Reach(s, bad, depth, z, fb, old(blkno[..])) == Reach(s, bad, top + 1, z0, fb0, old(blkno[..]))
      {
        ReachBelow(s, bad, depth, z, fb, blkno[..], old(blkno[..]));
        ghost var held := blkno[..];
        var next;
        next, fb := Round(bad, depth, z, fb);
        if next.Failure? {
          return next;
        }
        ReachBelow(s, bad, depth - 1, next.value, fb, held, old(blkno[..]));
        z, depth := next.value, depth - 1;
      }
      r := Success(z);
    }

    /** block_map. */
    method BlockMap(bad: set<nat>, fileBlock: nat) returns (r: Result<nat>)
      requires Valid()
      modifies blk, blkno
      ensures Valid()
      ensures r == Answer(Finds(s, bad, ino.zones, fileBlock, old(blkno[..])))
      ensures r.Success? || bad == {} ==> r == Answer(MinixReader.BlockMap(s, ino.zones, fileBlock))
    {
      FindsIs(s, bad, ino.zones, fileBlock, blkno[..]);
      if fileBlock < NDADDR {
        return Success(ino.zones[fileBlock]);
      }
      var fb: nat, level: nat := fileBlock - NDADDR, 0;
      while level < NIADDR
        invariant level <= NIADDR
        invariant fb == fileBlock - NDADDR - (if level == 0 then 0 else if level == 1 then Span(1) else Span(1) + Span(2))
      {
        if fb < nindir[level] {
          break;
        }
        fb := fb - nindir[level];
        level := level + 1;
      }
      if level == NIADDR {
        return Failure(Other(3));
      }
      r := Descend(bad, level, ino.zones[level + NDADDR], fb);
    }

    /** The data buffer is filled with zone `z`, or with zeros for a hole. */
    method FillBuffer(bad: set<nat>, fb: nat, z: nat) returns (ok: bool)
      requires Valid()
      modifies this`buf, this`bufBlkno
      ensures ok <==> z == 0 || (HasZone(s, z) && z !in bad)
      ensures ok ==> bufBlkno == fb && buf == if z == 0 then Hole() else ZoneBytes(s, z)
      ensures !ok ==> buf == [] && bufBlkno == old(bufBlkno)
    {
      buf := [];
      if z == 0 {
        buf := Hole();
      } else {
        var r := DeviceRead(bad, z);
        if r.Failure? {
          return false;
        }
        buf := r.value;
      }
      bufBlkno := fb;
      ok := true;
    }

    /** The device fails on the data zone of block `fb`, which is neither a hole nor the block held. */
    ghost predicate DataFails(bad: set<nat>, fb: nat)
      requires Valid()
      reads this, blk, blkno
    {
      var m := Finds(s, bad, ino.zones, fb, blkno[..]);
      fb != bufBlkno && m.Zone? && m.z != 0 && !Readable(s, bad, m.z)
    }

    /** The buffered half of buf_read_file. It fails as reading the block does, but for a buffer that is
        already stale and named for the block: then it gives the address of nothing. It leaves the buffer
        stale exactly when it was and is not replaced, or the device fails on the block in place of one
        that was held. */
    method LoadBlock(bad: set<nat>, fb: nat) returns (r: Result<()>)
      requires Valid() && Coherent()
      modifies this`buf, this`bufBlkno, blk, blkno
      ensures Valid() && Coherent()
      ensures r.Success? ==> ReadBlock(s, ino, fb) == Success(buf) && bufBlkno == fb && !Stale()
      ensures Stale() <==> r.Failure? && (old(Stale()) || (old(DataFails(bad, fb)) && old(bufBlkno) >= 0))
      ensures r == Failure(WILD) <==> old(Stale()) && old(bufBlkno) == fb
      ensures bad == {} && r != Failure(WILD) ==>
                (if r.Success? then ReadBlock(s, ino, fb).Success? else ReadBlock(s, ino, fb) == Failure(r.error))
    {
      if fb != bufBlkno {
        FindsIs(s, bad, ino.zones, fb, blkno[..]);
        var z := BlockMap(bad, fb);
        if z.Failure? {
          return Failure(z.error);
        }
        var ok := FillBuffer(bad, fb, z.value);
        if !ok {
          return Failure(Other(1));
        }
      }
      r := if buf != [] then Success(()) else Failure(WILD);
    }

    /** The direct half of buf_read_file: whatever zone 0 holds, it is read for a hole. */
    method ReadInto(bad: set<nat>, fb: nat, dst: array<Byte>, at: nat) returns (r: Result<()>, ghost z: nat)
      requires Valid() && Coherent() && at + BS <= dst.Length
      modifies blk, blkno, dst
      ensures Valid() && Coherent()
      ensures SameOutside(old(dst[..]), dst[..], at, at + BS)
      ensures r.Success? ==> MinixReader.BlockMap(s, ino.zones, fb) == Zone(z) && HasZone(s, z) && dst[at..at + BS] == ZoneBytes(s, z)
      ensures r.Failure? ==> r.error == Other(3) || r.error == Other(1)
      ensures r.Failure? && bad == {} ==> var m := MinixReader.BlockMap(s, ino.zones, fb); m.Zone? ==> !HasZone(s, m.z)
    {
      z := 0;
      var m := BlockMap(bad, fb);
      if m.Failure? {
        return Failure(m.error), z;
      }
      z := m.value;
      var data := DeviceRead(bad, m.value);
      if data.Failure? {
        return Failure(data.error), z;
      }
      Copy(dst, at, data.value);
      r := Success(());
    }

    // ---- Directories ----

    /** search_directory: through the cache it finds what is in the directory, as long as no block named
        by the buffer is missing. */
    method SearchDirectory(bad: set<nat>, name: seq<Byte>) returns (r: Result<nat>)
      requires Valid() && Coherent()
      modifies this`buf, this`bufBlkno, blk, blkno
      ensures Valid() && Coherent()
      ensures r.Success? ==> r == Search(s, ino, name, 0)
      ensures bad == {} && !old(Stale()) ==> r == Search(s, ino, name, 0)
    {
      var offset: nat := 0;
      while offset < ino.size
        invariant Valid() && Coherent() && offset % DIRENT == 0 && (!old(Stale()) ==> !Stale())
        invariant Search(s, ino, name, offset) == Search(s, ino, name, 0)
        decreases ino.size - offset
      {
        var loaded := LoadBlock(bad, Lblkno(offset));
        if loaded.Failure? {
          return Failure(loaded.error);
        }
        EntryFits(offset);
        var e := buf[offset % BS..offset % BS + DIRENT];
        if EntryIno(e) != 0 && EntryName(e) == name {
          return Success(EntryIno(e));
        }
        offset := offset + DIRENT;
      }
      r := Failure(NoEntry);
    }

    // ---- Reading ----

    /** A step that goes through the data buffer. */
    method BufferedStep(bad: set<nat>, pos: nat, dst: array<Byte>, at: nat, addr: nat, left: nat) returns (r: Result<nat>)
      requires Valid() && Coherent() && left > 0 && at + left <= dst.Length && pos < ino.size
      requires !Direct(Request(recSize, pos, addr, left), pos)
      modifies this`buf, this`bufBlkno, blk, blkno, dst
      ensures Valid() && Coherent() && SameOutside(old(dst[..]), dst[..], at, at + left)
      ensures r.Success? ==> r.value == StepSize(pos, left, ino.size)
      ensures r.Success? ==> Fills(Plan(s, ino, Request(recSize, pos, addr, left)), dst[..], at, pos, pos + r.value)
      ensures r.Success? && !old(Stale()) ==> !Stale()
      ensures bad == {} && !old(Stale()) && r.Failure? ==> Plan(s, ino, Request(recSize, pos, addr, left))(pos).Failure?
    {
      var off, n := pos % BS, StepSize(pos, left, ino.size);
      var loaded := LoadBlock(bad, Lblkno(pos));
      if loaded.Failure? {
        return Failure(loaded.error);
      }
      Copy(dst, at, buf[off..off + n]);
      StepFills(s, ino, Request(recSize, pos, addr, left), dst[..], at, n, buf);
      r := Success(n);
    }

    /** A step that takes a whole block into the caller's buffer. */
    method DirectStep(bad: set<nat>, pos: nat, dst: array<Byte>, at: nat, addr: nat, left: nat) returns (r: Result<nat>)
      requires Valid() && Coherent() && at + left <= dst.Length && pos < ino.size
      requires Direct(Request(recSize, pos, addr, left), pos)
      modifies blk, blkno, dst
      ensures Valid() && Coherent() && SameOutside(old(dst[..]), dst[..], at, at + left)
      ensures r.Success? ==> r.value == StepSize(pos, left, ino.size)
      ensures r.Success? ==> Fills(Plan(s, ino, Request(recSize, pos, addr, left)), dst[..], at, pos, pos + r.value)
      ensures bad == {} && r.Failure? ==> Plan(s, ino, Request(recSize, pos, addr, left))(pos).Failure?
    {
      var read, z := ReadInto(bad, Lblkno(pos), dst, at);
      if read.Failure? {
        return Failure(read.error);
      }
      var n := StepSize(pos, left, ino.size);
      assert dst[at..at + n] == dst[at..at + BS][..n];
      StepFills(s, ino, Request(recSize, pos, addr, left), dst[..], at, n, ZoneBytes(s, z));
      r := Success(n);
    }

    /** One round of minixfs_read_file at file position `pos`, with `left` bytes to read into index `at`
        of the caller's buffer, at address `addr`. */
    method ReadStep(bad: set<nat>, pos: nat, dst: array<Byte>, at: nat, addr: nat, left: nat) returns (r: Result<nat>)
      requires Valid() && Coherent() && left > 0 && at + left <= dst.Length
      modifies this`buf, this`bufBlkno, blk, blkno, dst
      ensures Valid() && Coherent() && SameOutside(old(dst[..]), dst[..], at, at + left)
      ensures r.Success? ==> pos < ino.size && r.value == StepSize(pos, left, ino.size)
      ensures r.Success? ==> Fills(Plan(s, ino, Request(recSize, pos, addr, left)), dst[..], at, pos, pos + r.value)
      ensures r.Success? && !old(Stale()) ==> !Stale()
      ensures bad == {} && !old(Stale()) && r.Failure? ==> Plan(s, ino, Request(recSize, pos, addr, left))(pos).Failure?
    {
      if pos >= ino.size {
        r := Failure(Other(3));
      } else if pos % BS != 0 || addr == 0 || left < BS || addr % recSize != 0 {
        r := BufferedStep(bad, pos, dst, at, addr, left);
      } else {
        r := DirectStep(bad, pos, dst, at, addr, left);
      }
    }

    /** Between two rounds: what has been read is in place, and the rest starts with a block, or is beyond the file. */
    ghost predicate Midway(p: Request, buffer: seq<Byte>, dst: array<Byte>, start: nat, done: nat)
      reads this, blk, blkno, dst
    {
      && Valid() && Coherent() && p.recSize == recSize && done <= p.count && SameOutside(buffer, dst[..], start, start + p.count)
      && (done == 0 || done == p.count || (p.offset + done) % BS == 0 || p.offset + done >= ino.size)
      && start + p.count <= dst.Length && Fills(Plan(s, ino, p), dst[..], start, p.offset, p.offset + done)
    }

    /** One round of the loop. */
    method ReadRound(bad: set<nat>, ghost p: Request, ghost buffer: seq<Byte>, dst: array<Byte>, start: nat, offset: nat, addr: nat, left: nat, ghost done: nat)
      returns (r: Result<nat>)
      requires start >= done && Midway(p, buffer, dst, start - done, done) && left > 0
      requires offset == p.offset + done && addr == p.addr + done && left == p.count - done
      modifies this`buf, this`bufBlkno, blk, blkno, dst
      ensures Valid() && Coherent() && ino == old(ino) && SameOutside(buffer, dst[..], start - done, start + left)
      ensures r.Success? ==> 0 < r.value <= left && Midway(p, buffer, dst, start - done, done + r.value)
      ensures r.Success? && !old(Stale()) ==> !Stale()
      ensures bad == {} && !old(Stale()) && r.Failure? ==> Plan(s, ino, p)(offset).Failure?
    {
      ghost var before, rest := dst[..], Request(recSize, offset, addr, left);
      r := ReadStep(bad, offset, dst, start, addr, left);
      if offset < ino.size {
        PlanAlike(s, ino, p, rest, done);
      }
      if r.Success? {
        StepEnds(offset, left, ino.size);
        Grows(Plan(s, ino, p), Plan(s, ino, rest), before, dst[..], start - done, p.offset, offset, offset + r.value, start + left);
      }
    }

    /** minixfs_read_file: the caller's buffer, whose first byte has address `base`, is filled from index
        `start` with what is delivered for each position. With no device error the read succeeds exactly
        when there is something to deliver for all of them. */
    method ReadFile(bad: set<nat>, offset: nat, dst: array<Byte>, base: nat, start: nat, size: nat) returns (ok: bool)
      requires Valid() && Coherent() && start + size <= dst.Length
      modifies this`buf, this`bufBlkno, blk, blkno, dst
      ensures Valid() && Coherent() && SameOutside(old(dst[..]), dst[..], start, start + size)
      ensures ok ==> Fills(Plan(s, ino, Request(recSize, offset, base + start, size)), dst[..], start, offset, offset + size)
      ensures ok && !old(Stale()) ==> !Stale()
      ensures bad == {} && !old(Stale()) ==>
        (ok <==> Whole(Plan(s, ino, Request(recSize, offset, base + start, size)), offset, offset + size))
    {
      var off, at, left := offset, start, size;
      ghost var p, buffer := Request(recSize, offset, base + start, size), dst[..];
      while left != 0
        invariant left <= size && off + left == offset + size && at + left == start + size
        invariant Midway(p, buffer, dst, start, size - left) && ino == old(ino) && (!old(Stale()) ==> !Stale())
      {
        var step := ReadRound(bad, p, buffer, dst, at, off, base + at, left, size - left);
        if step.Failure? {
          return false;
        }
        off, at, left := off + step.value, at + step.value, left - step.value;
      }
      ok := true;
    }
  }
}
