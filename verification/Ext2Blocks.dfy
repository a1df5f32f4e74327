/** The block list of an ext2 file (ext2fs.c:310-477): twelve direct block numbers, then the leaves of
    a single, a double and a triple index tree. A number 0 stands for a hole, or for a whole empty
    subtree. Blocks hold `n` little-endian words of four bytes. */
module Ext2Blocks {
  import opened Bytes
  import opened Division

  /** Readable blocks of the device, by number; reading any other block is a device error. */
  type Disk = map<nat, seq<Byte>>

  const NDADDR: nat := 12
  const NIADDR: nat := 3

  /** f_blkno of a level at which nothing is cached: -1 as an unsigned block number. */
  const EMPTY: nat := 0xffff_ffff

  ghost predicate DiskOk(disk: Disk, n: nat) {
    EMPTY !in disk && forall b :: b in disk ==> |disk[b]| == 4 * n
  }

  function Word(d: seq<Byte>, i: nat): nat
    requires 4 * i + 3 < |d|
  {
    var b0: nat, b1: nat, b2: nat, b3: nat := d[4 * i], d[4 * i + 1], d[4 * i + 2], d[4 * i + 3];
    b0 + 0x100 * b1 + 0x1_0000 * b2 + 0x100_0000 * b3
  }

  function Words(d: seq<Byte>, n: nat): (w: seq<nat>)
    requires |d| == 4 * n
    ensures |w| == n
  {
    seq(n, i requires 0 <= i < n => Word(d, i))
  }

  // ---- Where an inode is ----

  /** An inode has 128 bytes. */
  const INODE_WORDS: nat := 32

  /** ext2_ino2blk. */
  function InodeBlock(tables: seq<nat>, perGroup: nat, n: nat, ino: nat): nat
    requires n >= INODE_WORDS && perGroup > 0 && ino > 0 && (ino - 1) / perGroup < |tables|
  {
    tables[(ino - 1) / perGroup] + (ino - 1) % perGroup / (n / INODE_WORDS)
  }

  /** ext2_itoo. */
  function InodeSlot(n: nat, ino: nat): (k: nat)
    requires n >= INODE_WORDS && ino > 0
    ensures INODE_WORDS * k + INODE_WORDS <= n
  {
    var k := (ino - 1) % (n / INODE_WORDS);
    assert k < n / INODE_WORDS && INODE_WORDS * (n / INODE_WORDS) <= n;
    k
  }

  function InodeSize(w: seq<nat>, k: nat): nat
    requires INODE_WORDS * k + INODE_WORDS <= |w|
  {
    w[INODE_WORDS * k + 1]
  }

  function InodePointers(w: seq<nat>, k: nat): (p: seq<nat>)
    requires INODE_WORDS * k + INODE_WORDS <= |w|
    ensures |p| == NDADDR + NIADDR
  {
    w[INODE_WORDS * k + 10..INODE_WORDS * k + 25]
  }

  /** The slot is that of the inode in its group, for every inode, exactly if groups are whole blocks of
      the table; ext2_itoo does not look at the group. */
  lemma SlotsRightIff(perGroup: nat, perBlock: nat)
    requires perGroup > 0 && perBlock > 0
    ensures (forall m: nat :: m % perBlock == m % perGroup % perBlock) <==> perGroup % perBlock == 0
  {
    if perGroup % perBlock == 0 {
      forall m: nat ensures m % perBlock == m % perGroup % perBlock {
        WholeBlocks(m, perGroup, perBlock);
      }
    } else {
      assert perGroup % perGroup % perBlock == 0;
      assert perGroup % perBlock != perGroup % perGroup % perBlock;
    }
  }

  lemma WholeBlocks(m: nat, perGroup: nat, perBlock: nat)
    requires perGroup > 0 && perBlock > 0 && perGroup % perBlock == 0
    ensures m % perBlock == m % perGroup % perBlock
  {
    var g, q, i := perGroup / perBlock, m / perGroup, m % perGroup;
    Regroup(perBlock, g, q, i / perBlock);
    InGroup(m, perGroup, perBlock, g, q, i);
    DivModUnique(m, perBlock, g * q + i / perBlock, i % perBlock);
  }

  lemma Regroup(b: nat, g: nat, q: nat, x: nat)
    ensures (b * g) * q + b * x == (g * q + x) * b
  {
  }

  lemma InGroup(m: nat, perGroup: nat, perBlock: nat, g: nat, q: nat, i: nat)
    requires perGroup > 0 && perBlock > 0 && perGroup % perBlock == 0
    requires g == perGroup / perBlock && q == m / perGroup && i == m % perGroup
    ensures m == (perBlock * g) * q + perBlock * (i / perBlock) + i % perBlock
  {
    assert perGroup == perBlock * g;
    assert m == perGroup * q + i;
    assert i == perBlock * (i / perBlock) + i % perBlock;
  }

  /** Then the inodes of a group have their places to themselves, in order. */
  lemma InodePlace(tables: seq<nat>, perGroup: nat, n: nat, ino: nat)
    requires n >= INODE_WORDS && perGroup > 0 && ino > 0 && (ino - 1) / perGroup < |tables| && perGroup % (n / INODE_WORDS) == 0
    ensures var at := InodeBlock(tables, perGroup, n, ino) - tables[(ino - 1) / perGroup];
            at * (n / INODE_WORDS) + InodeSlot(n, ino) == (ino - 1) % perGroup
  {
    WholeBlocks(ino - 1, perGroup, n / INODE_WORDS);
  }

  // ---- Trees ----

  /** Blocks mapped by a tree of the given depth. */
  function Capacity(n: nat, depth: nat): (c: nat)
    requires n > 0
    ensures c > 0
  {
    if depth == 0 then 1
    else
      var c := Capacity(n, depth - 1);
      MulMonotone(c, 1, n);
      c * n
  }

  /** A product kept in a 32-bit int. */
  function Int32(x: int): int { (x + 0x8000_0000) % 0x1_0000_0000 - 0x8000_0000 }

  /** f_nindir as mount_fs computes it. */
  function Nindir(n: nat, level: nat): int {
    Int32((if level == 0 then 1 else Nindir(n, level - 1)) * n)
  }

  function Shifted(x: nat, k: nat): nat { if k == 0 then x else 2 * Shifted(x, k - 1) }

  /** The table of blocks mapped by each level is right exactly for blocks of up to 4096 bytes, and then
      no block number of the list is too large for an int. Blocks have 1024 << k bytes, `n` words. */
  lemma IndexArithmeticFits(k: nat, n: nat)
    requires n == Shifted(256, k)
    ensures n > 0
    ensures (forall l: nat :: l < NIADDR ==> Nindir(n, l) == Capacity(n, l + 1)) <==> 4 * n <= 4096
    ensures 4 * n <= 4096 ==> NDADDR + Capacity(n, 1) + Capacity(n, 2) + Capacity(n, 3) < 0x8000_0000
  {
    ShiftedSteps(k);
    Powers(n);
    if n <= 1024 {
      CubeBelow(n);
      NindirBelow(n);
      forall l: nat | l < NIADDR ensures Nindir(n, l) == Capacity(n, l + 1) {
        assert l == 0 || l == 1 || l == 2;
      }
    } else {
      CubeAbove(n);
      Int32Range(Nindir(n, 1) * n);
      assert Nindir(n, 2) != Capacity(n, 2 + 1);
    }
  }

  lemma Int32Exact(x: int)
    requires -0x8000_0000 <= x < 0x8000_0000
    ensures Int32(x) == x
  {
  }

  lemma Int32Range(x: int)
    ensures -0x8000_0000 <= Int32(x) < 0x8000_0000
  {
  }

  lemma NindirBelow(n: nat)
    requires n <= 1024 && n * n <= 0x10_0000 && n * n * n <= 0x4000_0000
    ensures Nindir(n, 0) == n && Nindir(n, 1) == n * n && Nindir(n, 2) == n * n * n
  {
    Int32Exact(n);
    assert Nindir(n, 0) == Int32(1 * n);
    Int32Exact(n * n);
    assert Nindir(n, 1) == Int32(Nindir(n, 0) * n);
    Int32Exact(n * n * n);
    assert Nindir(n, 2) == Int32(Nindir(n, 1) * n);
  }

  lemma Powers(n: nat)
    requires n > 0
    ensures Capacity(n, 1) == n && Capacity(n, 2) == n * n && Capacity(n, 3) == n * n * n
  {
    assert Capacity(n, 0) == 1;
  }

  lemma CubeBelow(n: nat)
    requires 0 < n <= 1024
    ensures n * n <= 0x10_0000 && n * n * n <= 0x4000_0000
  {
    MulMonotone(n, n, 1024);
    MulMonotone(n * n, n, 1024);
  }

  lemma CubeAbove(n: nat)
    requires n >= 2048
    ensures n * n * n >= 0x2_0000_0000
  {
    MulMonotone(n, 2048, n);
    MulMonotone(n * n, 2048, n);
  }

  lemma {:induction false} ShiftedSteps(k: nat)
    ensures 256 <= Shifted(256, k) && (Shifted(256, k) <= 1024 || Shifted(256, k) >= 2048)
    ensures k == 0 ==> Shifted(256, k) == 256
    ensures k == 1 ==> Shifted(256, k) == 512
    ensures k == 2 ==> Shifted(256, k) == 1024
    ensures k > 2 ==> Shifted(256, k) >= 2048
  {
    if k > 0 {
      ShiftedSteps(k - 1);
    }
  }

  // ---- The tree as a list ----

  datatype Mapped = Block(number: nat) | Unreadable | NullRead

  /** Reading a block fails if it is not on the device, or if the device fails on it this time. */
  predicate Readable(disk: Disk, bad: set<nat>, b: nat) { b in disk && b !in bad }

  function Repeat(m: Mapped, n: nat): (s: seq<Mapped>)
    ensures |s| == n && forall i :: 0 <= i < n ==> s[i] == m
  {
    seq(n, _ => m)
  }

  /** The leaves of the tree of the given depth below block number `p`, from left to right. */
  ghost function Leaves(disk: Disk, n: nat, depth: nat, p: nat): (s: seq<Mapped>)
    requires n > 0 && DiskOk(disk, n)
    ensures |s| == Capacity(n, depth)
    decreases depth, 0, 0
  {
    if depth == 0 then [Block(p)]
    else if p == 0 then Repeat(Block(0), Capacity(n, depth))
    else if p !in disk then Repeat(Unreadable, Capacity(n, depth))
    else Forest(disk, n, depth - 1, Words(disk[p], n))
  }

  ghost function Forest(disk: Disk, n: nat, depth: nat, ps: seq<nat>): (s: seq<Mapped>)
    requires n > 0 && DiskOk(disk, n)
    ensures |s| == Capacity(n, depth) * |ps|
    decreases depth, 1, |ps|
  {
    if ps == [] then []
    else Forest(disk, n, depth, ps[..|ps| - 1]) + Leaves(disk, n, depth, ps[|ps| - 1])
  }

  function DirectPart(block: seq<nat>): (s: seq<Mapped>)
    requires |block| == NDADDR + NIADDR
    ensures |s| == NDADDR && forall k :: 0 <= k < NDADDR ==> s[k] == Block(block[k])
  {
    seq(NDADDR, i requires 0 <= i < NDADDR => Block(block[i]))
  }

  /** The whole block list of a file with the given i_block. */
  ghost function BlockList(disk: Disk, n: nat, block: seq<nat>): (s: seq<Mapped>)
    requires n > 0 && DiskOk(disk, n) && |block| == NDADDR + NIADDR
  {
    DirectPart(block)
    + Leaves(disk, n, 1, block[NDADDR]) + Leaves(disk, n, 2, block[NDADDR + 1]) + Leaves(disk, n, 3, block[NDADDR + 2])
  }

  // ---- The walk down the tree ----

  lemma Split(fb: nat, c: nat, n: nat)
    requires c > 0 && fb < c * n
    ensures fb / c < n && fb % c < c && fb == c * (fb / c) + fb % c
  {
    if fb / c >= n {
      MulMonotone(c, n, fb / c);
      assert false;
    }
  }

  /** The word of an index block a file block falls under, and its place below that. */
  function Quotient(fb: nat, c: nat, n: nat): (q: nat)
    requires c > 0 && fb < c * n
    ensures q < n
  {
    Split(fb, c, n);
    fb / c
  }

  function Remainder(fb: nat, c: nat, n: nat): (r: nat)
    requires c > 0 && fb < c * n
    ensures r < c
  {
    Split(fb, c, n);
    fb % c
  }

  /** What block_map finds when level `l` of its cache holds block `held[l]`: a block held is not read
      again, and what is held at an empty level is data at address zero. */
  function Walk(disk: Disk, bad: set<nat>, n: nat, depth: nat, p: nat, fb: nat, held: seq<nat>): Mapped
    requires n > 0 && fb < Capacity(n, depth) && depth <= |held|
    requires forall b :: b in disk ==> |disk[b]| == 4 * n
    decreases depth
  {
    if depth == 0 || p == 0 then Block(p)
    else if p == EMPTY && held[depth - 1] == EMPTY then NullRead
    else if p !in disk || (p in bad && held[depth - 1] != p) then Unreadable
    else
      var c := Capacity(n, depth - 1);
      Walk(disk, bad, n, depth - 1, Word(disk[p], Quotient(fb, c, n)), Remainder(fb, c, n), held)
  }

  /** The block numbers on the way to leaf `fb`, as far as they exist. */
  function Path(disk: Disk, n: nat, depth: nat, p: nat, fb: nat): (s: seq<nat>)
    requires n > 0 && fb < Capacity(n, depth)
    requires forall b :: b in disk ==> |disk[b]| == 4 * n
    ensures 1 <= |s| <= depth + 1
    decreases depth
  {
    if depth == 0 || p == 0 || p !in disk then [p]
    else
      var c := Capacity(n, depth - 1);
      [p] + Path(disk, n, depth - 1, Word(disk[p], Quotient(fb, c, n)), Remainder(fb, c, n))
  }

  /** Every index block on the way is held by the cache or can be read. */
  predicate Clear(disk: Disk, bad: set<nat>, depth: nat, path: seq<nat>, held: seq<nat>)
    requires depth <= |held|
  {
    forall i :: 0 <= i < |path| && i < depth ==> path[i] == 0 || (path[i] in disk && (path[i] !in bad || held[depth - 1 - i] == path[i]))
  }

  /** One level down: the walk, the way and the leaf go on from the same word of block `p`. */
  lemma Down(disk: Disk, bad: set<nat>, n: nat, depth: nat, p: nat, fb: nat, held: seq<nat>) returns (w: nat, r: nat)
    requires n > 0 && DiskOk(disk, n) && fb < Capacity(n, depth) && 0 < depth <= |held| && p != 0 && p in disk
    ensures r < Capacity(n, depth - 1)
    ensures Path(disk, n, depth, p, fb) == [p] + Path(disk, n, depth - 1, w, r)
    ensures Leaves(disk, n, depth, p)[fb] == Leaves(disk, n, depth - 1, w)[r]
    ensures Walk(disk, bad, n, depth, p, fb, held) ==
            if p in bad && held[depth - 1] != p then Unreadable else Walk(disk, bad, n, depth - 1, w, r, held)
  {
    var c := Capacity(n, depth - 1);
    r := Remainder(fb, c, n);
    w := Word(disk[p], Quotient(fb, c, n));
    LeafBelow(disk, n, depth, p, fb, c);
  }

  /** A leaf of a tree is one of the subtree that its index falls in. */
  lemma LeafBelow(disk: Disk, n: nat, depth: nat, p: nat, fb: nat, c: nat)
    requires n > 0 && DiskOk(disk, n) && 0 < depth && c == Capacity(n, depth - 1) && fb < c * n && p != 0 && p in disk
    ensures |Leaves(disk, n, depth, p)| > fb
    ensures Leaves(disk, n, depth, p)[fb] == Leaves(disk, n, depth - 1, Word(disk[p], Quotient(fb, c, n)))[Remainder(fb, c, n)]
  {
    Split(fb, c, n);
    ForestAt(disk, n, depth - 1, Words(disk[p], n), Quotient(fb, c, n), Remainder(fb, c, n));
  }

  lemma {:induction false} ForestAt(disk: Disk, n: nat, depth: nat, ps: seq<nat>, i: nat, j: nat)
    requires n > 0 && DiskOk(disk, n) && i < |ps| && j < Capacity(n, depth)
    ensures Capacity(n, depth) * i + j < |Forest(disk, n, depth, ps)|
    ensures Forest(disk, n, depth, ps)[Capacity(n, depth) * i + j] == Leaves(disk, n, depth, ps[i])[j]
    decreases |ps|
  {
    var c := Capacity(n, depth);
    MulMonotone(c, i + 1, |ps|);
    if i < |ps| - 1 {
      ForestAt(disk, n, depth, ps[..|ps| - 1], i, j);
    }
  }

  /** The walk reaches a block exactly when every index block on the way is at hand, and the block it
      reaches is the leaf of its index, whatever the cache holds. */
  lemma {:induction false} WalkFindsLeaf(disk: Disk, bad: set<nat>, n: nat, depth: nat, p: nat, fb: nat, held: seq<nat>)
    requires n > 0 && DiskOk(disk, n) && fb < Capacity(n, depth) && depth <= |held|
    ensures var r := Walk(disk, bad, n, depth, p, fb, held);
            && (r.Block? <==> Clear(disk, bad, depth, Path(disk, n, depth, p, fb), held))
            && (r.Block? ==> r == Leaves(disk, n, depth, p)[fb])
    decreases depth
  {
    var path := Path(disk, n, depth, p, fb);
    if depth > 0 {
      assert path[0] == p;
    }
    if depth > 0 && p != 0 && p in disk {
      var w, r := Down(disk, bad, n, depth, p, fb, held);
      WalkFindsLeaf(disk, bad, n, depth - 1, w, r, held);
      ClearFirst(disk, bad, depth, p, Path(disk, n, depth - 1, w, r), held);
    }
  }

  lemma ClearFirst(disk: Disk, bad: set<nat>, depth: nat, p: nat, rest: seq<nat>, held: seq<nat>)
    requires 0 < depth <= |held|
    ensures Clear(disk, bad, depth, [p] + rest, held) <==>
            (p == 0 || (p in disk && (p !in bad || held[depth - 1] == p))) && Clear(disk, bad, depth - 1, rest, held)
  {
    var path := [p] + rest;
    if Clear(disk, bad, depth, path, held) {
      assert path[0] == p;
      forall i | 0 <= i < |rest| && i < depth - 1
        ensures rest[i] == 0 || (rest[i] in disk && (rest[i] !in bad || held[depth - 2 - i] == rest[i]))
      {
        assert path[i + 1] == rest[i];
      }
    }
  }

  /** The path ends at an index block with the number that marks an empty cache, the cache of that level is empty,
      and the path gets there. */
  predicate EndsEmpty(disk: Disk, bad: set<nat>, depth: nat, s: seq<nat>, held: seq<nat>)
    requires depth <= |held| && s != []
  {
    |s| <= depth && s[|s| - 1] == EMPTY && held[depth - |s|] == EMPTY && Clear(disk, bad, depth, s[..|s| - 1], held)
  }

  lemma EndsEmptyFirst(disk: Disk, bad: set<nat>, depth: nat, p: nat, rest: seq<nat>, held: seq<nat>)
    requires 0 < depth <= |held| && rest != [] && p != 0 && p in disk
    ensures EndsEmpty(disk, bad, depth, [p] + rest, held) <==>
            (p !in bad || held[depth - 1] == p) && EndsEmpty(disk, bad, depth - 1, rest, held)
  {
    assert ([p] + rest)[..|rest|] == [p] + rest[..|rest| - 1];
    ClearFirst(disk, bad, depth, p, rest[..|rest| - 1], held);
  }

  /** It reads address zero exactly when it comes to an index block with the number that marks an empty
      cache, and the cache of that level is empty. */
  lemma {:induction false} NullReadIff(disk: Disk, bad: set<nat>, n: nat, depth: nat, p: nat, fb: nat, held: seq<nat>)
    requires n > 0 && DiskOk(disk, n) && fb < Capacity(n, depth) && depth <= |held|
    ensures Walk(disk, bad, n, depth, p, fb, held) == NullRead <==> EndsEmpty(disk, bad, depth, Path(disk, n, depth, p, fb), held)
    decreases depth
  {
    if depth > 0 && p != 0 && p in disk {
      var w, r := Down(disk, bad, n, depth, p, fb, held);
      NullReadIff(disk, bad, n, depth - 1, w, r, held);
      EndsEmptyFirst(disk, bad, depth, p, Path(disk, n, depth - 1, w, r), held);
    }
  }

  /** A hole is found exactly when a number on the way is 0 and nothing above it is out of reach. */
  lemma {:induction false} HoleIff(disk: Disk, bad: set<nat>, n: nat, depth: nat, p: nat, fb: nat, held: seq<nat>)
    requires n > 0 && DiskOk(disk, n) && fb < Capacity(n, depth) && depth <= |held|
    ensures var path := Path(disk, n, depth, p, fb);
            Walk(disk, bad, n, depth, p, fb, held) == Block(0) <==> 0 in path && Clear(disk, bad, depth, path, held)
    decreases depth
  {
    if depth > 0 && p != 0 && p in disk {
      var w, r := Down(disk, bad, n, depth, p, fb, held);
      HoleIff(disk, bad, n, depth - 1, w, r, held);
      ClearFirst(disk, bad, depth, p, Path(disk, n, depth - 1, w, r), held);
    }
  }

  // ---- block_map as a function ----

  datatype Lookup = Maps(m: Mapped) | NotInFile

  /** The block of index `fb`: a direct number, or the walk of the tree the index falls in. */
  function Find(disk: Disk, bad: set<nat>, n: nat, block: seq<nat>, fb: nat, held: seq<nat>): Lookup
    requires n > 0 && (forall b :: b in disk ==> |disk[b]| == 4 * n) && |block| == NDADDR + NIADDR && |held| == NIADDR
  {
    if fb < NDADDR then Maps(Block(block[fb]))
    else FindFrom(disk, bad, n, block, 0, fb - NDADDR, held)
  }

  function FindFrom(disk: Disk, bad: set<nat>, n: nat, block: seq<nat>, level: nat, fb: nat, held: seq<nat>): Lookup
    requires n > 0 && (forall b :: b in disk ==> |disk[b]| == 4 * n) && |block| == NDADDR + NIADDR && |held| == NIADDR
    decreases NIADDR - level
  {
    if level >= NIADDR then NotInFile
    else if fb < Capacity(n, level + 1) then Maps(Walk(disk, bad, n, level + 1, block[level + NDADDR], fb, held))
    else FindFrom(disk, bad, n, block, level + 1, fb - Capacity(n, level + 1), held)
  }

  lemma FindCases(disk: Disk, bad: set<nat>, n: nat, block: seq<nat>, i: nat, held: seq<nat>)
    requires n > 0 && DiskOk(disk, n) && |block| == NDADDR + NIADDR && |held| == NIADDR
    ensures var c1, c2, c3 := Capacity(n, 1), Capacity(n, 2), Capacity(n, 3);
            FindFrom(disk, bad, n, block, 0, i, held) ==
            if i < c1 then Maps(Walk(disk, bad, n, 1, block[NDADDR], i, held))
            else if i - c1 < c2 then Maps(Walk(disk, bad, n, 2, block[NDADDR + 1], i - c1, held))
            else if i - c1 - c2 < c3 then Maps(Walk(disk, bad, n, 3, block[NDADDR + 2], i - c1 - c2, held))
            else NotInFile
  {
    var c1, c2, c3 := Capacity(n, 1), Capacity(n, 2), Capacity(n, 3);
    if i >= c1 {
      assert FindFrom(disk, bad, n, block, 0, i, held) == FindFrom(disk, bad, n, block, 1, i - c1, held);
      if i - c1 >= c2 {
        assert FindFrom(disk, bad, n, block, 1, i - c1, held) == FindFrom(disk, bad, n, block, 2, i - c1 - c2, held);
      }
    }
  }

  /** There is no block beyond the list, and a block found is the entry of the list with its index;
      without device failures nothing else can be found in a list that has no unreadable entry. */
  lemma FindIsList(disk: Disk, bad: set<nat>, n: nat, block: seq<nat>, fb: nat, held: seq<nat>)
    requires n > 0 && DiskOk(disk, n) && |block| == NDADDR + NIADDR && |held| == NIADDR
    ensures var list := BlockList(disk, n, block);
            var r := Find(disk, bad, n, block, fb, held);
            && (r == NotInFile <==> fb >= |list|)
            && (fb < |list| && r.m.Block? ==> r.m == list[fb])
            && (fb < |list| && bad == {} && list[fb] != Unreadable ==> r.m.Block?)
  {
    var t1, t2, t3 := Leaves(disk, n, 1, block[NDADDR]), Leaves(disk, n, 2, block[NDADDR + 1]), Leaves(disk, n, 3, block[NDADDR + 2]);
    Joined(DirectPart(block), t1, t2, t3);
    if NDADDR <= fb {
      FindCases(disk, bad, n, block, fb - NDADDR, held);
      TreesFind(disk, bad, n, block, t1, t2, t3, fb - NDADDR, held);
    }
  }

  /** The list is the four parts, one after the other. */
  ghost predicate InParts(list: seq<Mapped>, d: seq<Mapped>, t1: seq<Mapped>, t2: seq<Mapped>, t3: seq<Mapped>) {
    && |list| == |d| + |t1| + |t2| + |t3|
    && (forall k :: 0 <= k < |d| ==> list[k] == d[k])
    && (forall k :: |d| <= k < |d| + |t1| ==> list[k] == t1[k - |d|])
    && (forall k :: |d| + |t1| <= k < |d| + |t1| + |t2| ==> list[k] == t2[k - |d| - |t1|])
    && (forall k :: |d| + |t1| + |t2| <= k < |list| ==> list[k] == t3[k - |d| - |t1| - |t2|])
  }

  lemma Joined(d: seq<Mapped>, t1: seq<Mapped>, t2: seq<Mapped>, t3: seq<Mapped>)
    ensures InParts(d + t1 + t2 + t3, d, t1, t2, t3)
  {
  }

  lemma TreesFind(disk: Disk, bad: set<nat>, n: nat, block: seq<nat>, t1: seq<Mapped>, t2: seq<Mapped>, t3: seq<Mapped>, i: nat, held: seq<nat>)
    requires n > 0 && DiskOk(disk, n) && |block| == NDADDR + NIADDR && |held| == NIADDR
    requires t1 == Leaves(disk, n, 1, block[NDADDR]) && t2 == Leaves(disk, n, 2, block[NDADDR + 1]) && t3 == Leaves(disk, n, 3, block[NDADDR + 2])
    ensures i < |t1| ==> Finds(bad, Walk(disk, bad, n, 1, block[NDADDR], i, held), t1[i])
    ensures |t1| <= i < |t1| + |t2| ==> Finds(bad, Walk(disk, bad, n, 2, block[NDADDR + 1], i - |t1|, held), t2[i - |t1|])
    ensures |t1| + |t2| <= i < |t1| + |t2| + |t3| ==>
              Finds(bad, Walk(disk, bad, n, 3, block[NDADDR + 2], i - |t1| - |t2|, held), t3[i - |t1| - |t2|])
  {
    if i < |t1| {
      TreeFinds(disk, bad, n, 1, block[NDADDR], i, held);
    } else if i - |t1| < |t2| {
      TreeFinds(disk, bad, n, 2, block[NDADDR + 1], i - |t1|, held);
    } else if i - |t1| - |t2| < |t3| {
      TreeFinds(disk, bad, n, 3, block[NDADDR + 2], i - |t1| - |t2|, held);
    }
  }

  predicate Finds(bad: set<nat>, r: Mapped, leaf: Mapped) {
    (r.Block? ==> r == leaf) && (bad == {} && leaf != Unreadable ==> r.Block?)
  }

  lemma TreeFinds(disk: Disk, bad: set<nat>, n: nat, depth: nat, p: nat, fb: nat, held: seq<nat>)
    requires n > 0 && DiskOk(disk, n) && fb < Capacity(n, depth) && depth <= |held|
    ensures Finds(bad, Walk(disk, bad, n, depth, p, fb, held), Leaves(disk, n, depth, p)[fb])
  {
    WalkFindsLeaf(disk, bad, n, depth, p, fb, held);
    if bad == {} && Leaves(disk, n, depth, p)[fb] != Unreadable {
      ClearIfReadable(disk, n, depth, p, fb, held);
    }
  }

  /** With no failing device, only a leaf below a number that is not on the device is out of reach. */
  lemma {:induction false} ClearIfReadable(disk: Disk, n: nat, depth: nat, p: nat, fb: nat, held: seq<nat>)
    requires n > 0 && DiskOk(disk, n) && fb < Capacity(n, depth) && depth <= |held|
    requires Leaves(disk, n, depth, p)[fb] != Unreadable
    ensures Clear(disk, {}, depth, Path(disk, n, depth, p, fb), held)
    decreases depth
  {
    if depth > 0 && p != 0 && p in disk {
      var w, r := Down(disk, {}, n, depth, p, fb, held);
      ClearIfReadable(disk, n, depth - 1, w, r, held);
      ClearFirst(disk, {}, depth, p, Path(disk, n, depth - 1, w, r), held);
    }
  }

  // ---- The bytes of a file ----

  /** ext2_lblkno and ext2_blkoff: the block a position of the file falls in, and its place there. */
  function Lblkno(n: nat, pos: nat): nat
    requires n > 0
  {
    var size := 4 * n;
    DivMonotone(0, pos, size);
    pos / size
  }

  function Blkoff(n: nat, pos: nat): (off: nat)
    requires n > 0
    ensures off < 4 * n
  {
    var size := 4 * n;
    pos % size
  }

  /** Where block `k` starts. */
  function Start(n: nat, k: nat): nat {
    if k == 0 then 0 else Start(n, k - 1) + 4 * n
  }

  lemma {:induction false} StartIs(n: nat, k: nat)
    ensures Start(n, k) == k * (4 * n)
  {
    if k > 0 {
      StartIs(n, k - 1);
      assert (k - 1) * (4 * n) + 4 * n == k * (4 * n);
    }
  }

  lemma {:induction false} StartMonotone(n: nat, j: nat, k: nat)
    requires j <= k
    ensures Start(n, j) <= Start(n, k)
  {
    if j < k {
      StartMonotone(n, j, k - 1);
    }
  }

  lemma Position(n: nat, pos: nat)
    requires n > 0
    ensures pos == Start(n, Lblkno(n, pos)) + Blkoff(n, pos)
  {
    StartIs(n, Lblkno(n, pos));
    var size := 4 * n;
    assert pos == (pos / size) * size + pos % size;
  }

  lemma PositionUnique(n: nat, fb: nat, off: nat)
    requires n > 0 && off < 4 * n
    ensures Lblkno(n, Start(n, fb) + off) == fb && Blkoff(n, Start(n, fb) + off) == off
  {
    StartIs(n, fb);
    DivModUnique(Start(n, fb) + off, 4 * n, fb, off);
  }

  /** The file has contents at block `fb`: a hole, or a block of the device. */
  ghost predicate HasBlock(disk: Disk, n: nat, block: seq<nat>, fb: nat)
    requires n > 0 && DiskOk(disk, n) && |block| == NDADDR + NIADDR
  {
    var list := BlockList(disk, n, block);
    fb < |list| && list[fb].Block? && (list[fb].number == 0 || list[fb].number in disk)
  }

  ghost predicate IsHole(disk: Disk, n: nat, block: seq<nat>, fb: nat)
    requires n > 0 && DiskOk(disk, n) && |block| == NDADDR + NIADDR
  {
    HasBlock(disk, n, block, fb) && BlockList(disk, n, block)[fb] == Block(0)
  }

  ghost function BlockBytes(disk: Disk, n: nat, block: seq<nat>, fb: nat): (s: seq<Byte>)
    requires n > 0 && DiskOk(disk, n) && |block| == NDADDR + NIADDR && HasBlock(disk, n, block, fb)
    ensures |s| == 4 * n
  {
    var b := BlockList(disk, n, block)[fb].number;
    if b == 0 then Zeros(4 * n) else disk[b]
  }

  function Zeros(k: nat): (s: seq<Byte>)
    ensures |s| == k && forall i :: 0 <= i < k ==> s[i] == 0
  {
    seq(k, _ => 0)
  }

  /** Where a block is found, what is read there is the file's. */
  lemma FoundBytes(disk: Disk, bad: set<nat>, n: nat, block: seq<nat>, fb: nat, held: seq<nat>)
    requires n > 0 && DiskOk(disk, n) && |block| == NDADDR + NIADDR && |held| == NIADDR
    ensures var r := Find(disk, bad, n, block, fb, held);
            && (r.Maps? && r.m == Block(0) ==> IsHole(disk, n, block, fb) && BlockBytes(disk, n, block, fb) == Zeros(4 * n))
            && (r.Maps? && r.m.Block? && r.m.number != 0 && r.m.number in disk ==>
                  HasBlock(disk, n, block, fb) && !IsHole(disk, n, block, fb) && BlockBytes(disk, n, block, fb) == disk[r.m.number])
            && (bad == {} && HasBlock(disk, n, block, fb) ==> r.Maps? && r.m.Block? && (r.m.number == 0 || r.m.number in disk))
  {
    FindIsList(disk, bad, n, block, fb, held);
  }

  /** A position of the file, whose block may be missing. */
  datatype Cell = Known(b: Byte) | Missing

  function Cells(s: seq<Byte>): (c: seq<Cell>)
    ensures |c| == |s| && forall i :: 0 <= i < |s| ==> c[i] == Known(s[i])
  {
    seq(|s|, i requires 0 <= i < |s| => Known(s[i]))
  }

  ghost function BlockCells(disk: Disk, n: nat, block: seq<nat>, fb: nat): (s: seq<Cell>)
    requires n > 0 && DiskOk(disk, n) && |block| == NDADDR + NIADDR
    ensures |s| == 4 * n
  {
    if HasBlock(disk, n, block, fb) then Cells(BlockBytes(disk, n, block, fb)) else seq(4 * n, _ => Missing)
  }

  /** Pieces of `size` cells, one after the other. */
  ghost function Flat(pieces: seq<seq<Cell>>): (s: seq<Cell>) {
    if pieces == [] then [] else Flat(pieces[..|pieces| - 1]) + pieces[|pieces| - 1]
  }

  lemma {:induction false} FlatAt(pieces: seq<seq<Cell>>, n: nat, k: nat)
    requires k < |pieces| && forall i :: 0 <= i < |pieces| ==> |pieces[i]| == 4 * n
    ensures Start(n, k) + 4 * n <= Start(n, |pieces|) == |Flat(pieces)|
    ensures Flat(pieces)[Start(n, k)..Start(n, k) + 4 * n] == pieces[k]
  {
    var front := pieces[..|pieces| - 1];
    if k < |front| {
      FlatAt(front, n, k);
      SliceKept(Flat(front), pieces[|front|], Start(n, k), Start(n, k) + 4 * n);
    } else {
      FlatLength(front, n);
      SliceLast(Flat(front), pieces[k]);
    }
  }

  lemma {:induction false} FlatLength(pieces: seq<seq<Cell>>, n: nat)
    requires forall i :: 0 <= i < |pieces| ==> |pieces[i]| == 4 * n
    ensures |Flat(pieces)| == Start(n, |pieces|)
  {
    if pieces != [] {
      FlatLength(pieces[..|pieces| - 1], n);
    }
  }

  lemma SliceKept(a: seq<Cell>, b: seq<Cell>, lo: nat, hi: nat)
    requires lo <= hi <= |a|
    ensures (a + b)[lo..hi] == a[lo..hi]
  {
  }

  lemma SliceLast(a: seq<Cell>, b: seq<Cell>)
    ensures (a + b)[|a|..|a| + |b|] == b
  {
  }

  /** The bytes of a file, as far as its block list goes. */
  ghost function Contents(disk: Disk, n: nat, block: seq<nat>): (s: seq<Cell>)
    requires n > 0 && DiskOk(disk, n) && |block| == NDADDR + NIADDR
  {
    Flat(Pieces(disk, n, block))
  }

  ghost function Pieces(disk: Disk, n: nat, block: seq<nat>): (s: seq<seq<Cell>>)
    requires n > 0 && DiskOk(disk, n) && |block| == NDADDR + NIADDR
    ensures |s| == |BlockList(disk, n, block)|
    ensures forall i :: 0 <= i < |s| ==> |s[i]| == 4 * n
    ensures forall i :: 0 <= i < |s| ==> s[i] == BlockCells(disk, n, block, i)
  {
    seq(|BlockList(disk, n, block)|, i requires i >= 0 => BlockCells(disk, n, block, i))
  }

  /** `bytes` are what the contents have from `offset` on. */
  ghost predicate IsPart(contents: seq<Cell>, offset: nat, bytes: seq<Byte>) {
    offset + |bytes| <= |contents| && forall i: nat :: i < |bytes| ==> contents[offset + i] == Known(bytes[i])
  }

  lemma StepIsPart(disk: Disk, n: nat, block: seq<nat>, offset: nat, len: nat)
    requires n > 0 && DiskOk(disk, n) && |block| == NDADDR + NIADDR
    requires HasBlock(disk, n, block, Lblkno(n, offset)) && Blkoff(n, offset) + len <= 4 * n
    ensures var off := Blkoff(n, offset);
            IsPart(Contents(disk, n, block), offset, BlockBytes(disk, n, block, Lblkno(n, offset))[off..off + len])
  {
    Position(n, offset);
    PlaceIsPart(disk, n, block, Lblkno(n, offset), Blkoff(n, offset), len);
  }

  lemma PlaceIsPart(disk: Disk, n: nat, block: seq<nat>, fb: nat, off: nat, len: nat)
    requires n > 0 && DiskOk(disk, n) && |block| == NDADDR + NIADDR && HasBlock(disk, n, block, fb) && off + len <= 4 * n
    ensures IsPart(Contents(disk, n, block), Start(n, fb) + off, BlockBytes(disk, n, block, fb)[off..off + len])
  {
    var pieces := Pieces(disk, n, block);
    FlatAt(pieces, n, fb);
    SliceIsPart(Flat(pieces), Start(n, fb), Start(n, fb) + 4 * n, BlockBytes(disk, n, block, fb), off, len);
  }

  /** All bytes up to `size` are there. */
  ghost predicate AllKnown(contents: seq<Cell>, size: nat) {
    size <= |contents| && forall k :: 0 <= k < size ==> contents[k].Known?
  }

  lemma KnownHasBlock(disk: Disk, n: nat, block: seq<nat>, pos: nat)
    requires n > 0 && DiskOk(disk, n) && |block| == NDADDR + NIADDR
    requires pos < |Contents(disk, n, block)| && Contents(disk, n, block)[pos].Known?
    ensures HasBlock(disk, n, block, Lblkno(n, pos))
  {
    var pieces := Pieces(disk, n, block);
    var fb, off := Lblkno(n, pos), Blkoff(n, pos);
    Position(n, pos);
    FlatLength(pieces, n);
    if fb >= |pieces| {
      StartMonotone(n, |pieces|, fb);
    } else {
      FlatAt(pieces, n, fb);
      CellAt(Flat(pieces), Start(n, fb), Start(n, fb) + 4 * n, off);
      assert BlockCells(disk, n, block, fb)[off].Known?;
    }
  }

  lemma CellAt(s: seq<Cell>, lo: nat, hi: nat, off: nat)
    requires lo + off < hi <= |s|
    ensures s[lo..hi][off] == s[lo + off]
  {
  }

  lemma SliceIsPart(contents: seq<Cell>, lo: nat, hi: nat, s: seq<Byte>, off: nat, len: nat)
    requires lo <= hi <= |contents| && contents[lo..hi] == Cells(s) && off + len <= |s|
    ensures IsPart(contents, lo + off, s[off..off + len])
  {
    var part := s[off..off + len];
    forall i: nat | i < |part| ensures contents[lo + off + i] == Known(part[i]) {
      assert contents[lo..hi][off + i] == Known(s[off + i]);
    }
  }

  /** Of a buffer, the bytes from `lo` up to `hi` are what the contents have from `offset` on. */
  ghost predicate FilledWith(contents: seq<Cell>, offset: nat, buffer: seq<Byte>, lo: nat, hi: nat)
    requires hi <= |buffer|
  {
    forall j :: lo <= j < hi ==> CellIs(contents, offset + (j - lo), buffer[j])
  }

  predicate CellIs(contents: seq<Cell>, k: nat, b: Byte) {
    k < |contents| && contents[k] == Known(b)
  }

  lemma PartFills(contents: seq<Cell>, offset: nat, buffer: seq<Byte>, lo: nat, hi: nat)
    requires lo <= hi <= |buffer| && IsPart(contents, offset, buffer[lo..hi])
    ensures FilledWith(contents, offset, buffer, lo, hi)
  {
    forall j | lo <= j < hi ensures CellIs(contents, offset + (j - lo), buffer[j]) {
      assert buffer[lo..hi][j - lo] == buffer[j];
    }
  }

  lemma FillGrows(contents: seq<Cell>, offset: nat, before: seq<Byte>, now: seq<Byte>, lo: nat, mid: nat, hi: nat, end: nat)
    requires lo <= mid <= hi <= end <= |now| == |before| && SameOutside(before, now, mid, end)
    requires FilledWith(contents, offset, before, lo, mid) && FilledWith(contents, offset + (mid - lo), now, mid, hi)
    ensures FilledWith(contents, offset, now, lo, hi)
  {
    forall j | lo <= j < hi ensures CellIs(contents, offset + (j - lo), now[j]) {
      if j >= mid {
        FilledAt(contents, offset + (mid - lo), now, mid, hi, j, offset + (j - lo));
      } else {
        FilledAt(contents, offset, before, lo, mid, j, offset + (j - lo));
      }
    }
  }

  lemma FilledAt(contents: seq<Cell>, offset: nat, buffer: seq<Byte>, lo: nat, hi: nat, j: nat, k: nat)
    requires lo <= j < hi <= |buffer| && FilledWith(contents, offset, buffer, lo, hi) && k == offset + (j - lo)
    ensures CellIs(contents, k, buffer[j])
  {
  }
}
