/** Directories of the image: what the writer packs, and what the reader finds in it. */
module MinixDirectory {
  import opened Bytes
  import opened PathNames
  import opened MinixFiles
  import opened MinixReader
  import opened MinixWriter

  datatype Entry = Entry(ino: nat, name: seq<Byte>)

  const DIRMODE: nat := 0x41ED

  ghost predicate EntryOk(e: Entry) { 0 < e.ino < 0x1_0000 && |e.name| <= NAME_LEN && NUL !in e.name }

  ghost predicate EntriesOk(es: seq<Entry>) { forall i :: 0 <= i < |es| ==> EntryOk(es[i]) }

  /** b.ljust(NAMELEN). */
  function Padded(name: seq<Byte>): (b: seq<Byte>)
    requires |name| <= NAME_LEN
    ensures |b| == NAME_LEN
  {
    name + seq(NAME_LEN - |name|, _ => NUL)
  }

  function Dirent(e: Entry): (b: seq<Byte>)
    requires e.ino < 0x1_0000 && |e.name| <= NAME_LEN
    ensures |b| == DIRENT
  {
    Pack16(e.ino) + Padded(e.name)
  }

  function Dirents(es: seq<Entry>): (b: seq<Byte>)
    requires forall i :: 0 <= i < |es| ==> es[i].ino < 0x1_0000 && |es[i].name| <= NAME_LEN
    ensures |b| == DIRENT * |es|
  {
    if es == [] then [] else Dirents(es[..|es| - 1]) + Dirent(es[|es| - 1])
  }

  lemma {:induction false} DirentsAt(es: seq<Entry>, k: nat)
    requires EntriesOk(es) && k < |es|
    ensures Dirents(es)[DIRENT * k..DIRENT * k + DIRENT] == Dirent(es[k])
  {
    if k < |es| - 1 {
      DirentsAt(es[..|es| - 1], k);
      assert Dirents(es)[DIRENT * k..DIRENT * k + DIRENT] == Dirents(es[..|es| - 1])[DIRENT * k..DIRENT * k + DIRENT];
    }
  }

  // ---- A packed entry reads back ----

  lemma {:induction false} NulAfter(name: seq<Byte>, i: nat)
    requires NUL !in name && |name| <= NAME_LEN && i <= |name|
    ensures NulAt(Padded(name), i) == |name|
    decreases |name| - i
  {
    if i < |name| {
      assert Padded(name)[i] == name[i] && name[i] in name;
      NulAfter(name, i + 1);
    }
  }

  lemma DirentReads(e: Entry)
    requires EntryOk(e)
    ensures EntryIno(Dirent(e)) == e.ino && EntryName(Dirent(e)) == e.name
  {
    assert Dirent(e)[2..16] == Padded(e.name);
    NulAfter(e.name, 0);
    assert Padded(e.name)[..|e.name|] == e.name;
    assert Dirent(e)[0..2] == Pack16(e.ino);
    Unpack16(Dirent(e), 0, e.ino);
  }

  // ---- Searching ----

  /** A directory of one zone: what fits of its entries is there. */
  ghost predicate DirOk(s: Image, dir: Inode, z: nat, es: seq<Entry>) {
    && EntriesOk(es) && 0 < z && HasZone(s, z)
    && dir == Inode(DIRMODE, DIRENT * |es|, ZoneNumbers([z], 0, 0)) && |es| <= NINODES
    && forall k: nat :: k < |es| && k < 64 ==> s[z * BS + DIRENT * k..z * BS + DIRENT * k + DIRENT] == Dirent(es[k])
  }

  /** The first entry of that name from the `k`-th on. */
  function FirstNamed(es: seq<Entry>, name: seq<Byte>, k: nat): (j: nat)
    requires k <= |es|
    ensures k <= j <= |es| && (j < |es| ==> es[j].name == name)
    decreases |es| - k
  {
    if k == |es| || es[k].name == name then k else FirstNamed(es, name, k + 1)
  }

  lemma BlockOfEntry(k: nat)
    requires k <= NINODES
    ensures Lblkno(DIRENT * k) == k / 64 && DIRENT * k % BS == DIRENT * (k % 64)
  {
    assert DIRENT * k / BS == k / 64;
  }

  /** The search finds the first entry of the name, if it is one of the first 64; the others are looked
      for in holes. */
  lemma {:induction false} SearchFinds(s: Image, dir: Inode, z: nat, es: seq<Entry>, name: seq<Byte>, k: nat)
    requires DirOk(s, dir, z, es) && k <= |es|
    ensures var j := FirstNamed(es, name, k);
            Search(s, dir, name, DIRENT * k) == if j < |es| && j < 64 then Success(es[j].ino) else Failure(NoEntry)
    decreases |es| - k
  {
    if k < |es| {
      SearchOne(s, dir, z, es, name, k);
      SearchFinds(s, dir, z, es, name, k + 1);
    }
  }

  /** One round of the search, in block `b` at byte `at`. */
  lemma SearchRound(s: Image, dir: Inode, name: seq<Byte>, offset: nat, b: nat, at: nat, block: seq<Byte>)
    requires |dir.zones| == 9 && offset % DIRENT == 0 && offset < dir.size && Lblkno(offset) == b && offset % BS == at && at + DIRENT <= BS
    requires ReadBlock(s, dir, b) == Success(block)
    ensures var e := block[at..at + DIRENT];
            Search(s, dir, name, offset) ==
            if EntryIno(e) != 0 && EntryName(e) == name then Success(EntryIno(e))
            else (EntryFits(offset); Search(s, dir, name, offset + DIRENT))
  {
  }

  lemma SearchOne(s: Image, dir: Inode, z: nat, es: seq<Entry>, name: seq<Byte>, k: nat)
    requires DirOk(s, dir, z, es) && k < |es|
    ensures Search(s, dir, name, DIRENT * k) ==
            if k < 64 && es[k].name == name then Success(es[k].ino) else Search(s, dir, name, DIRENT * (k + 1))
  {
    BlockOfEntry(k);
    if k < 64 {
      EntryAt(s, dir, z, es, k);
      SearchRound(s, dir, name, DIRENT * k, 0, DIRENT * k, s[z * BS..(z + 1) * BS]);
    } else {
      HoleAt(s, dir, z, es, k);
      SearchRound(s, dir, name, DIRENT * k, k / 64, DIRENT * (k % 64), Hole());
    }
  }

  lemma EntryAt(s: Image, dir: Inode, z: nat, es: seq<Entry>, k: nat)
    requires DirOk(s, dir, z, es) && k < |es| && k < 64
    ensures ReadBlock(s, dir, 0) == Success(s[z * BS..(z + 1) * BS])
    ensures s[z * BS..(z + 1) * BS][DIRENT * k..DIRENT * k + DIRENT] == Dirent(es[k])
    ensures EntryIno(Dirent(es[k])) == es[k].ino && EntryName(Dirent(es[k])) == es[k].name
  {
    DirentReads(es[k]);
    Part(s, z * BS, s[z * BS..(z + 1) * BS], DIRENT * k, DIRENT);
  }

  lemma HoleAt(s: Image, dir: Inode, z: nat, es: seq<Entry>, k: nat)
    requires DirOk(s, dir, z, es) && 64 <= k < |es|
    ensures ReadBlock(s, dir, k / 64) == Success(Hole())
    ensures EntryIno(Hole()[DIRENT * (k % 64)..DIRENT * (k % 64) + DIRENT]) == 0
  {
    var b := k / 64;
    assert 1 <= b <= 7;
    assert BlockMap(s, dir.zones, b) == Zone(0);
  }
}
