/** What the Minix reader of the bootstrap task finds in an image (minixfs.c, minix_ffs_compat.c): an
    inode, the zone of each block through direct, single and double indirect zones, the bytes of a
    file, the entries of a directory. An image is the bytes of the device; reading a block that is not
    all there is a device error. */
module MinixReader {
  import opened Bytes
  import opened PathNames

  const BS: nat := 1024
  const NDADDR: nat := 7
  const NINDIR: nat := 512
  const DIRENT: nat := 16
  const NAME_LEN: nat := 14
  const MAGIC: nat := 0x137F
  const IFMT: nat := 0xF000
  const MINIX_ROOT: nat := 1

  type Image = seq<Byte>

  function U16(s: Image, o: nat): nat
    requires o + 1 < |s|
  {
    var low: nat, high: nat := s[o], s[o + 1];
    low + 256 * high
  }

  predicate HasZone(s: Image, z: nat) { (z + 1) * BS <= |s| }

  /** The superblock: whether it is one, and where the inodes are. */
  datatype Super = Super(imapBlocks: nat, zmapBlocks: nat)

  function Mount(s: Image): Result<Super> {
    if !HasZone(s, 1) then Failure(Other(1))
    else if U16(s, BS + 16) != MAGIC then Failure(Other(2))
    else Success(Super(U16(s, BS + 4), U16(s, BS + 6)))
  }

  datatype Inode = Inode(mode: nat, size: nat, zones: seq<nat>)

  /** minix_ino2blk and minix_itoo. */
  function InodeOffset(sb: Super, n: nat): nat
    requires n > 0
  {
    (2 + sb.imapBlocks + sb.zmapBlocks + (n - 1) / 32) * BS + (n - 1) % 32 * 32
  }

  /** The nine zone numbers of an inode that starts at byte `o`. */
  function ZonesAt(s: Image, o: nat): (z: seq<nat>)
    requires o + 32 <= |s|
    ensures |z| == 9
  {
    seq(9, i requires 0 <= i < 9 => U16(s, o + 14 + 2 * i))
  }

  function InodeAt(s: Image, o: nat): (i: Inode)
    requires o + 32 <= |s|
    ensures |i.zones| == 9
  {
    Inode(U16(s, o), U16(s, o + 4) + 0x1_0000 * U16(s, o + 6), ZonesAt(s, o))
  }

  function ReadInode(s: Image, n: nat): (r: Result<Inode>)
    ensures r.Success? ==> |r.value.zones| == 9
  {
    match Mount(s)
    case Failure(e) => Failure(e)
    case Success(sb) =>
      if n == 0 || InodeOffset(sb, n) / BS * BS + BS > |s| then Failure(Other(1))
      else
        var o := InodeOffset(sb, n);
        InodeFits(sb.imapBlocks + sb.zmapBlocks + 2, n - 1);
        Success(InodeAt(s, o))
  }

  /** An inode does not cross a block boundary. */
  lemma InodeFits(table: nat, k: nat)
    ensures var o := (table + k / 32) * BS + k % 32 * 32; o + 32 <= o / BS * BS + BS
  {
    var o := (table + k / 32) * BS + k % 32 * 32;
    assert k % 32 * 32 + 32 <= BS;
    assert o / BS == table + k / 32;
  }

  /** What block_map finds. */
  datatype Mapping = Zone(z: nat) | NotInFile | Unreadable

  /** The `i`-th pointer of an indirect zone; a zone number 0 stands for nothing at all. */
  function Pointer(s: Image, m: Mapping, i: nat): Mapping {
    if !m.Zone? || m.z == 0 then m
    else if i < NINDIR && HasZone(s, m.z) then Zone(U16(s, m.z * BS + 2 * i))
    else Unreadable
  }

  function BlockMap(s: Image, zones: seq<nat>, b: nat): Mapping
    requires |zones| == 9
  {
    if b < NDADDR then Zone(zones[b])
    else if b - NDADDR < NINDIR then Pointer(s, Zone(zones[7]), b - NDADDR)
    else if b - NDADDR - NINDIR < NINDIR * NINDIR then
      var i := b - NDADDR - NINDIR;
      Pointer(s, Pointer(s, Zone(zones[8]), i / NINDIR), i % NINDIR)
    else NotInFile
  }

  function Hole(): (s: seq<Byte>)
    ensures |s| == BS && forall i :: 0 <= i < BS ==> s[i] == 0
  {
    seq(BS, _ => 0)
  }

  /** A block of a file, as the data cache holds it. */
  function ReadBlock(s: Image, ino: Inode, b: nat): (r: Result<seq<Byte>>)
    requires |ino.zones| == 9
    ensures r.Success? ==> |r.value| == BS
  {
    match BlockMap(s, ino.zones, b)
    case Zone(z) =>
      if z == 0 then Success(Hole())
      else if HasZone(s, z) then Success(s[z * BS..(z + 1) * BS])
      else Failure(Other(1))
    case NotInFile => Failure(Other(3))
    case Unreadable => Failure(Other(1))
  }

  /** minix_lblkno, kept in a 16-bit minix_daddr_t: beyond 64 MiB the blocks of a file begin again. */
  function Lblkno(pos: nat): nat { pos / BS % 0x1_0000 }

  function ReadByte(s: Image, ino: Inode, pos: nat): Result<Byte>
    requires |ino.zones| == 9
  {
    if pos >= ino.size then Failure(Other(3))
    else match ReadBlock(s, ino, Lblkno(pos))
      case Failure(e) => Failure(e)
      case Success(block) => Success(block[pos % BS])
  }

  // ---- Directories ----

  /** The name in a directory entry, as strncpy into a buffer of 15 leaves it. */
  function EntryName(e: seq<Byte>): seq<Byte>
    requires |e| == DIRENT
  {
    CString(e[2..16])
  }

  function EntryIno(e: seq<Byte>): nat
    requires |e| == DIRENT
  {
    U16(e, 0)
  }

  /** search_directory, from byte `offset` of the directory on. */
  function Search(s: Image, dir: Inode, name: seq<Byte>, offset: nat): Result<nat>
    requires |dir.zones| == 9 && offset % DIRENT == 0
    decreases dir.size - offset
  {
    if offset >= dir.size then Failure(NoEntry)
    else match ReadBlock(s, dir, Lblkno(offset))
      case Failure(e) => Failure(e)
      case Success(block) =>
        EntryFits(offset);
        var e := block[offset % BS..offset % BS + DIRENT];
        if EntryIno(e) != 0 && EntryName(e) == name then Success(EntryIno(e))
        else Search(s, dir, name, offset + DIRENT)
  }

  lemma EntryFits(offset: nat)
    requires offset % DIRENT == 0
    ensures offset % BS + DIRENT <= BS && (offset + DIRENT) % DIRENT == 0
  {
    var q := offset / DIRENT;
    assert offset == BS * (q / 64) + DIRENT * (q % 64);
  }

  /** The directory tree of an image, for the lookup of paths. */
  function TreeOf(s: Image): Tree {
    Tree((n: nat) => NodeAt(s, n), (n: nat, name: seq<Char>) => SearchIn(s, n, name), NAME_LEN, MINIX_ROOT)
  }

  function NodeAt(s: Image, n: nat): Result<Node> {
    match ReadInode(s, n)
    case Failure(e) => Failure(e)
    case Success(i) => Success(if Format(i.mode) == 0x4000 then Directory else Plain)
  }

  /** The type bits of a mode. */
  function Format(mode: nat): nat { mode / 0x1000 % 0x10 * 0x1000 }

  function SearchIn(s: Image, n: nat, name: seq<Char>): Result<nat> {
    match ReadInode(s, n)
    case Failure(e) => Failure(e)
    case Success(i) => Search(s, i, name, 0)
  }

  /** minixfs_open_file. */
  function OpenFile(s: Image, path: seq<Char>): Result<nat> {
    match Open(TreeOf(s), path)
    case Failure(e) => Failure(e)
    case Success(p) => Success(p.ino)
  }
}
